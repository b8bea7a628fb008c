/**
 * The SYSCALL entry and exit path (`syscall_entry_stub` in kernel/arch/syscall.rs), instruction by instruction:
 * the user registers are stored on a per-CPU scratch stack, copied to the caller's kernel stack, and restored from
 * there after the dispatcher, possibly on another processor.
 */
module SyscallPath {
  import opened Common
  import opened Machine

  const EBUSY: Word := 0xFFFF_FFFF_FFFF_FFF0

  /** The saved user registers, in the order of the frame's sixteen words. */
  datatype Frame = Frame(
    rax: Word, rcx: Word, rdx: Word, rbx: Word, rsp: Word, rbp: Word, rsi: Word, rdi: Word,
    r8: Word, r9: Word, r10: Word, r11: Word, r12: Word, r13: Word, r14: Word, r15: Word)

  function FrameAt(m: Memory, p: nat): Frame {
    Frame(Load(m, p), Load(m, p + 8), Load(m, p + 16), Load(m, p + 24),
          Load(m, p + 32), Load(m, p + 40), Load(m, p + 48), Load(m, p + 56),
          Load(m, p + 64), Load(m, p + 72), Load(m, p + 80), Load(m, p + 88),
          Load(m, p + 96), Load(m, p + 104), Load(m, p + 112), Load(m, p + 120))
  }

  function FrameOf(r: Regs): Frame {
    Frame(r.rax, r.rcx, r.rdx, r.rbx, r.rsp, r.rbp, r.rsi, r.rdi,
          r.r8, r.r9, r.r10, r.r11, r.r12, r.r13, r.r14, r.r15)
  }

  /** Where each user register lies in the frame. */
  lemma {:induction false} FrameWords(m: Memory, p: nat, r: Regs)
    ensures FrameAt(m, p) == FrameOf(r) <==>
      && Load(m, p) == r.rax && Load(m, p + 8) == r.rcx && Load(m, p + 16) == r.rdx && Load(m, p + 24) == r.rbx
      && Load(m, p + 32) == r.rsp && Load(m, p + 40) == r.rbp && Load(m, p + 48) == r.rsi && Load(m, p + 56) == r.rdi
      && Load(m, p + 64) == r.r8 && Load(m, p + 72) == r.r9 && Load(m, p + 80) == r.r10 && Load(m, p + 88) == r.r11
      && Load(m, p + 96) == r.r12 && Load(m, p + 104) == r.r13 && Load(m, p + 112) == r.r14 && Load(m, p + 120) == r.r15
  {
  }

  /** A point in an execution: registers, control state and memory. */
  datatype Point = Point(r: Regs, k: Ctl, mem: Memory)

  /**
   * How one pass through the stub ends: back in ring 3 from the frame-restoring path, in ring 3 through the nested
   * exit, back in the kernel code that issued the SYSCALL, or in `syscall_bad_return`.
   */
  datatype Exit = Sysret(at: Point) | Nested(at: Point) | KernelReturn(at: Point) | BadReturn(rip: Word, rsp: Word, k: Ctl)

  ghost predicate SameOutside(m: Memory, m': Memory, lo: int, hi: int) {
    forall a: nat :: !(lo <= a < hi) ==> Load(m', a) == Load(m, a)
  }

  // ---------------------------------------------------------------------------------------------
  // Entry

  method SaveFrame(r0: Regs, k: Ctl, mem0: Memory) returns (r: Regs, mem: Memory)
    requires OwnGs(k) && r0.rsp >= 128
    ensures FrameAt(mem, r0.rsp - 128) == FrameOf(r0.(rsp := k.percpu.userRsp))
    ensures SameOutside(mem0, mem, r0.rsp - 128, r0.rsp)
    ensures r.rsp == r0.rsp - 128 && r.cs == r0.cs && r.ss == r0.ss
  {
    r, mem := r0, mem0;
    r := r.(rsp := r.rsp - 128);
    r, mem := StoreLower(r, k, mem);
    mem := StoreUpper(r, mem);
    r := r.(rax := 0);
  }

  method StoreLower(r0: Regs, k: Ctl, mem0: Memory) returns (r: Regs, mem: Memory)
    requires OwnGs(k)
    ensures Load(mem, r0.rsp) == r0.rax && Load(mem, r0.rsp + 8) == r0.rcx
    ensures Load(mem, r0.rsp + 16) == r0.rdx && Load(mem, r0.rsp + 24) == r0.rbx
    ensures Load(mem, r0.rsp + 32) == k.percpu.userRsp && Load(mem, r0.rsp + 40) == r0.rbp
    ensures Load(mem, r0.rsp + 48) == r0.rsi && Load(mem, r0.rsp + 56) == r0.rdi
    ensures SameOutside(mem0, mem, r0.rsp, r0.rsp + 64)
    ensures r == r0.(rax := k.percpu.userRsp)
  {
    r, mem := r0, mem0;
    mem := mem[r.rsp := r.rax];
    mem := mem[r.rsp + 8 := r.rcx];
    mem := mem[r.rsp + 16 := r.rdx];
    mem := mem[r.rsp + 24 := r.rbx];
    r := r.(rax := GsRead(k).userRsp);
    mem := mem[r.rsp + 32 := r.rax];
    mem := mem[r.rsp + 40 := r.rbp];
    mem := mem[r.rsp + 48 := r.rsi];
    mem := mem[r.rsp + 56 := r.rdi];
  }

  method StoreUpper(r: Regs, mem0: Memory) returns (mem: Memory)
    ensures Load(mem, r.rsp + 64) == r.r8 && Load(mem, r.rsp + 72) == r.r9
    ensures Load(mem, r.rsp + 80) == r.r10 && Load(mem, r.rsp + 88) == r.r11
    ensures Load(mem, r.rsp + 96) == r.r12 && Load(mem, r.rsp + 104) == r.r13
    ensures Load(mem, r.rsp + 112) == r.r14 && Load(mem, r.rsp + 120) == r.r15
    ensures SameOutside(mem0, mem, r.rsp + 64, r.rsp + 128)
  {
    mem := mem0;
    mem := mem[r.rsp + 64 := r.r8];
    mem := mem[r.rsp + 72 := r.r9];
    mem := mem[r.rsp + 80 := r.r10];
    mem := mem[r.rsp + 88 := r.r11];
    mem := mem[r.rsp + 96 := r.r12];
    mem := mem[r.rsp + 104 := r.r13];
    mem := mem[r.rsp + 112 := r.r14];
    mem := mem[r.rsp + 120 := r.r15];
  }

  /** `rep movsq` over disjoint ranges. */
  method RepMovsq(mem0: Memory, src: nat, dst: nat, count: nat) returns (mem: Memory)
    requires src + 8 * count <= dst || dst + 8 * count <= src
    ensures forall i :: 0 <= i < count ==> Load(mem, dst + 8 * i) == Load(mem0, src + 8 * i)
    ensures SameOutside(mem0, mem, dst, dst + 8 * count)
  {
    mem := mem0;
    var n := 0;
    while n < count
      invariant n <= count
      invariant forall i :: 0 <= i < n ==> Load(mem, dst + 8 * i) == Load(mem0, src + 8 * i)
      invariant SameOutside(mem0, mem, dst, dst + 8 * n)
    {
      assert Load(mem, src + 8 * n) == Load(mem0, src + 8 * n);
      mem := mem[dst + 8 * n := Load(mem, src + 8 * n)];
      n := n + 1;
    }
  }

  lemma {:induction false} FrameCopied(m: Memory, src: nat, m': Memory, dst: nat)
    requires forall i :: 0 <= i < 16 ==> Load(m', dst + 8 * i) == Load(m, src + 8 * i)
    ensures FrameAt(m', dst) == FrameAt(m, src)
  {
    assert Load(m', dst + 8 * 0) == Load(m, src + 8 * 0) && Load(m', dst + 8 * 1) == Load(m, src + 8 * 1);
    assert Load(m', dst + 8 * 2) == Load(m, src + 8 * 2) && Load(m', dst + 8 * 3) == Load(m, src + 8 * 3);
    assert Load(m', dst + 8 * 4) == Load(m, src + 8 * 4) && Load(m', dst + 8 * 5) == Load(m, src + 8 * 5);
    assert Load(m', dst + 8 * 6) == Load(m, src + 8 * 6) && Load(m', dst + 8 * 7) == Load(m, src + 8 * 7);
    assert Load(m', dst + 8 * 8) == Load(m, src + 8 * 8) && Load(m', dst + 8 * 9) == Load(m, src + 8 * 9);
    assert Load(m', dst + 8 * 10) == Load(m, src + 8 * 10) && Load(m', dst + 8 * 11) == Load(m, src + 8 * 11);
    assert Load(m', dst + 8 * 12) == Load(m, src + 8 * 12) && Load(m', dst + 8 * 13) == Load(m, src + 8 * 13);
    assert Load(m', dst + 8 * 14) == Load(m, src + 8 * 14) && Load(m', dst + 8 * 15) == Load(m, src + 8 * 15);
  }

  lemma {:induction false} FrameKept(m: Memory, m': Memory, p: nat)
    requires forall a: nat :: p <= a < p + 128 ==> Load(m', a) == Load(m, a)
    ensures FrameAt(m', p) == FrameAt(m, p)
  {
  }

  /** The processor after the entry half: kernel GS, kernel root, trampoline reserved, frame published. */
  function EntryCtl(k: Ctl, userRsp: Word, fp: Word): Ctl {
    var p := k.percpu.(active := 1, userRsp := userRsp, framePtr := fp);
    k.(gs := k.kernelGs, kernelGs := k.gs, percpu := p,
       cr3 := if p.kernelCr3 == p.userCr3 then k.cr3 else p.kernelCr3)
  }

  /** `call get_rsp0`: a SysV callee on the scratch stack, below the frame. */
  predicate ScratchOnly(junk: Memory, top: nat) {
    forall a :: a in junk ==> a < top - 128
  }

  /** Where the scratch frame and the caller's kernel frame lie: in different stacks. */
  predicate Layout(top: nat, rsp0: nat) {
    && 136 <= top && 656 <= rsp0 && rsp0 % 16 == 0
    && (top <= rsp0 - 656 || rsp0 <= top - 128)
  }

  method ToKernelStack(r0: Regs, k0: Ctl, mem0: Memory, top: Word, rsp0: Word, clobbered: Regs, junk: Memory)
    returns (r: Regs, k: Ctl, mem: Memory)
    requires OwnGs(k0) && Layout(top, rsp0) && ScratchOnly(junk, top)
    requires r0.rsp == top - 128
    ensures r.r12 == rsp0 - 640 && r.r13 == rsp0 - 512 && r.rsp == rsp0 - 640
    ensures FrameAt(mem, rsp0 - 640) == FrameAt(mem0, top - 128)
    ensures r.cs == r0.cs && r.ss == r0.ss
    ensures k == k0.(percpu := k0.percpu.(framePtr := rsp0 - 640),
                     cr3 := if k0.percpu.kernelCr3 == k0.percpu.userCr3 then k0.cr3 else k0.percpu.kernelCr3)
  {
    r, k, mem := r0, k0, mem0;
    r := r.(r12 := r.rsp);
    r := r.(rax := GsRead(k).kernelCr3);
    if r.rax != GsRead(k).userCr3 {
      k := k.(cr3 := r.rax);
    }
    mem := mem + junk;
    r := r.(rax := rsp0, rcx := clobbered.rcx, rdx := clobbered.rdx, rsi := clobbered.rsi, rdi := clobbered.rdi,
            r8 := clobbered.r8, r9 := clobbered.r9, r10 := clobbered.r10, r11 := clobbered.r11);
    JunkBelow(mem0, junk, top);
    r, mem := CopyFrame(r, mem, top, rsp0);
    r := r.(r12 := r.rsp);
    r := r.(r13 := r.rsp + 128);
    k := GsWrite(k, GsRead(k).(framePtr := r.r12));
  }

  lemma {:induction false} JunkBelow(m: Memory, junk: Memory, top: nat)
    requires top >= 128 && ScratchOnly(junk, top)
    ensures FrameAt(m + junk, top - 128) == FrameAt(m, top - 128)
  {
    FrameKept(m, m + junk, top - 128);
  }

  method CopyFrame(r0: Regs, mem0: Memory, top: Word, rsp0: Word) returns (r: Regs, mem: Memory)
    requires Layout(top, rsp0) && r0.rax == rsp0 && r0.r12 == top - 128
    ensures FrameAt(mem, rsp0 - 640) == FrameAt(mem0, top - 128)
    ensures r.rsp == rsp0 - 640 && r.cs == r0.cs && r.ss == r0.ss
  {
    r := r0;
    r := r.(rsp := r.rax);
    r := r.(rsp := r.rsp - 512);
    r := r.(rsp := r.rsp - 128);
    r := r.(rdi := r.rsp);
    r := r.(rsi := r.r12);
    r := r.(rcx := 16);
    mem := RepMovsq(mem0, r.rsi, r.rdi, r.rcx);
    FrameCopied(mem0, r.rsi, mem, r.rdi);
    r := r.(rcx := 0, rsi := r.rsi + 128, rdi := r.rdi + 128);
  }

  /** The dispatcher's arguments: the syscall number and six arguments, the last one on an aligned stack. */
  method LoadArguments(r0: Regs, mem0: Memory, f: Frame) returns (r: Regs, mem: Memory)
    requires r0.rsp >= 16 && r0.r12 == r0.rsp && f == FrameAt(mem0, r0.r12)
    ensures r.rdi == f.rax && r.rsi == f.rdi && r.rdx == f.rsi && r.rcx == f.rdx && r.r8 == f.r10 && r.r9 == f.r8
    ensures r.rsp == r0.rsp - 16 && Load(mem, r.rsp) == f.r9
    ensures r.r12 == r0.r12 && r.r13 == r0.r13 && r.cs == r0.cs && r.ss == r0.ss
    ensures FrameAt(mem, r0.r12) == f
  {
    r, mem := r0, mem0;
    r := r.(rdi := Load(mem, r.r12));
    r := r.(rsi := Load(mem, r.r12 + 56));
    r := r.(rdx := Load(mem, r.r12 + 48));
    r := r.(rcx := Load(mem, r.r12 + 16));
    r := r.(r8 := Load(mem, r.r12 + 80));
    r := r.(r9 := Load(mem, r.r12 + 64));
    r := r.(rsp := r.rsp - 8);
    mem, r := mem[r.rsp - 8 := Load(mem, r.r12 + 72)], r.(rsp := r.rsp - 8);
    FrameKept(mem0, mem, r.r12);
  }

  /** From the reservation of the trampoline to the call of the dispatcher. */
  method EntryPath(p: Point, rsp0: Word, clobbered: Regs, junk: Memory) returns (q: Point)
    requires OwnGs(p.k) && Layout(p.k.percpu.scratchTop, rsp0) && ScratchOnly(junk, p.k.percpu.scratchTop)
    ensures q.k == p.k.(percpu := p.k.percpu.(userRsp := p.r.rsp, framePtr := rsp0 - 640),
                        cr3 := if p.k.percpu.kernelCr3 == p.k.percpu.userCr3 then p.k.cr3 else p.k.percpu.kernelCr3)
    ensures FrameAt(q.mem, rsp0 - 640) == FrameOf(p.r)
    ensures q.r.r12 == rsp0 - 640 && q.r.rsp == rsp0 - 656
    ensures q.r.rdi == p.r.rax && q.r.rsi == p.r.rdi && q.r.rdx == p.r.rsi && q.r.rcx == p.r.rdx
    ensures q.r.r8 == p.r.r10 && q.r.r9 == p.r.r8 && Load(q.mem, q.r.rsp) == p.r.r9
  {
    var r, k, mem := p.r, p.k, p.mem;
    k := GsWrite(k, GsRead(k).(userRsp := r.rsp));
    r := r.(rsp := GsRead(k).scratchTop);
    r, mem := SaveFrame(r, k, mem);
    r, k, mem := ToKernelStack(r, k, mem, p.k.percpu.scratchTop, rsp0, clobbered, junk);
    r, mem := LoadArguments(r, mem, FrameOf(p.r));
    q := Point(r, k, mem);
  }

  // ---------------------------------------------------------------------------------------------
  // Exit

  /** The processor after the exit half, for the staged FS and GS bases. */
  function ExitCtl(k: Ctl, rdx: Word): Ctl {
    var p := k.percpu.(active := 0, framePtr := 0, tmp := rdx);
    k.(fs := p.pendingFs, gs := p.pendingGs, kernelGs := k.gs, percpu := p,
       cr3 := if p.userCr3 == p.kernelCr3 then k.cr3 else p.userCr3)
  }

  /** The processor when the return is refused: still on the kernel side, the reservation dropped. */
  function RefusedCtl(k: Ctl, ret: Word): Ctl {
    var p := k.percpu.(active := 0, framePtr := 0, tmp := ret);
    k.(fs := p.pendingFs, kernelGs := p.pendingGs, percpu := p)
  }

  /** The user registers after SYSRETQ. */
  function ReturnRegs(f: Frame, ret: Word): Regs {
    var flags := UserFlags(f.r11);
    Regs(ret, f.rbx, f.rcx, f.rdx, f.rsi, f.rdi, f.rbp, f.rsp, f.r8, f.r9, f.r10, flags,
         f.r12, f.r13, f.r14, f.r15, f.rcx, flags, USER_CS, USER_SS)
  }

  method CommitTls(r0: Regs, k0: Ctl) returns (r: Regs, k: Ctl)
    requires OwnGs(k0)
    ensures k == k0.(fs := k0.percpu.pendingFs, kernelGs := k0.percpu.pendingGs,
                     percpu := k0.percpu.(active := 0, tmp := r0.rax))
    ensures r == r0.(rcx := r.rcx, rdx := r.rdx)
  {
    r, k := r0, k0;
    k := GsWrite(k, GsRead(k).(active := 0));
    k := GsWrite(k, GsRead(k).(tmp := r.rax));
    r := r.(rax := GsRead(k).pendingFs);
    r := r.(rdx := r.rax / 0x1_0000_0000);
    r := r.(rcx := 0xC000_0100);
    k := k.(fs := r.rdx * 0x1_0000_0000 + r.rax % 0x1_0000_0000);
    r := r.(rax := GsRead(k).pendingGs);
    r := r.(rdx := r.rax / 0x1_0000_0000);
    r := r.(rcx := 0xC000_0102);
    k := k.(kernelGs := r.rdx * 0x1_0000_0000 + r.rax % 0x1_0000_0000);
    r := r.(rax := GsRead(k).tmp);
  }

  method RestoreFrame(r0: Regs, mem: Memory, f: Frame) returns (r: Regs)
    requires f == FrameAt(mem, r0.r12)
    ensures r == ReturnRegs(f, r0.rax).(rip := r0.rip, rflags := r0.rflags, cs := r0.cs, ss := r0.ss)
  {
    r := r0;
    r := r.(rcx := Load(mem, r.r12 + 8));
    r := r.(rdx := Load(mem, r.r12 + 16));
    r := r.(rbx := Load(mem, r.r12 + 24));
    r := r.(rbp := Load(mem, r.r12 + 40));
    r := r.(rsi := Load(mem, r.r12 + 48));
    r := r.(rdi := Load(mem, r.r12 + 56));
    r := r.(r8 := Load(mem, r.r12 + 64));
    r := r.(r9 := Load(mem, r.r12 + 72));
    r := r.(r10 := Load(mem, r.r12 + 80));
    r := r.(r11 := Load(mem, r.r12 + 88));
    r := r.(r13 := RFLAGS_USER_MASK);
    r := r.(r11 := UserFlags(r.r11));
    r := r.(r13 := Load(mem, r.r12 + 104));
    r := r.(r14 := Load(mem, r.r12 + 112));
    r := r.(r15 := Load(mem, r.r12 + 120));
    r := r.(rsp := Load(mem, r.r12 + 32));
    r := r.(r12 := Load(mem, r.r12 + 96));
  }

  method UserReturnAllowed(rip: Word, rsp: Word) returns (ok: bool)
    ensures ok <==> rip < TWO_47 && rsp < TWO_47
  {
    UserAddressIsLow(rip);
    UserAddressIsLow(rsp);
    if Sar16(Shl16(rip)) != rip || BitTest47(rip) {
      return false;
    }
    return Sar16(Shl16(rsp)) == rsp && !BitTest47(rsp);
  }

  /** From the dispatcher's return to SYSRETQ or `syscall_bad_return`. */
  method ExitPath(p: Point, f: Frame) returns (e: Exit)
    requires OwnGs(p.k) && p.r.rsp + 16 < TWO_64
    requires f == FrameAt(p.mem, p.r.r12)
    ensures e == if f.rcx < TWO_47 && f.rsp < TWO_47
                 then Sysret(Point(ReturnRegs(f, p.r.rax), ExitCtl(p.k, f.rdx), p.mem))
                 else BadReturn(f.rcx, f.rsp, RefusedCtl(p.k, p.r.rax))
  {
    var r, k := p.r, p.k;
    r := r.(rsp := r.rsp + 16);
    k := GsWrite(k, GsRead(k).(framePtr := 0));
    r, k := CommitTls(r, k);
    var ok := UserReturnAllowed(Load(p.mem, r.r12 + 8), Load(p.mem, r.r12 + 32));
    if !ok {
      return BadReturn(Load(p.mem, r.r12 + 8), Load(p.mem, r.r12 + 32), k);
    }
    r := RestoreFrame(r, p.mem, f);
    k := GsWrite(k, GsRead(k).(tmp := r.rdx));
    r := r.(rdx := GsRead(k).userCr3);
    if r.rdx != GsRead(k).kernelCr3 {
      k := k.(cr3 := r.rdx);
    }
    r := r.(rdx := GsRead(k).tmp);
    k := SwapGs(k);
    r := r.(rip := r.rcx, rflags := r.r11, cs := USER_CS, ss := USER_SS);
    e := Sysret(Point(r, k, p.mem));
  }

  // ---------------------------------------------------------------------------------------------
  // The whole path

  /** A dispatcher that keeps the callee-saved registers and the frame; it may return on another processor. */
  predicate Obeys(p: Point, q: Point) {
    && OwnGs(q.k)
    && q.r.rbx == p.r.rbx && q.r.rbp == p.r.rbp && q.r.rsp == p.r.rsp && q.r.cs == p.r.cs && q.r.ss == p.r.ss
    && q.r.r12 == p.r.r12 && q.r.r13 == p.r.r13 && q.r.r14 == p.r.r14 && q.r.r15 == p.r.r15
    && FrameAt(q.mem, p.r.r12) == FrameAt(p.mem, p.r.r12)
  }

  predicate Returns(dispatcher: Point -> Point, p: Point, q: Point) {
    q == dispatcher(p)
  }

  ghost predicate SysV(dispatcher: Point -> Point) {
    forall p: Point, q: Point :: Returns(dispatcher, p, q) && OwnGs(p.k) ==> Obeys(p, q)
  }

  /** A SYSCALL instruction just executed in ring 3 on the processor that owns `k.slot`. */
  predicate FromUser(p: Point) {
    p.k.kernelGs == p.k.slot
  }

  /** The dispatcher is called on an aligned stack with the number and the six arguments the user passed. */
  predicate CalledFor(user: Regs, called: Point) {
    && called.r.rdi == user.rax && called.r.rsi == user.rdi && called.r.rdx == user.rsi && called.r.rcx == user.rdx
    && called.r.r8 == user.r10 && called.r.r9 == user.r8 && Load(called.mem, called.r.rsp) == user.r9
    && called.r.rsp % 16 == 0
  }

  /** Where a push at stack pointer `rsp` stores. */
  function Below(rsp: Word): Word {
    (rsp + TWO_64 - 8) % TWO_64
  }

  /** SYSRETQ: the instruction pointer comes from rcx and the flags from r11. */
  function AfterSysret(r: Regs): Regs {
    r.(rip := r.rcx, rflags := r.r11, cs := USER_CS, ss := USER_SS)
  }

  /** From the reservation of the trampoline to the end of the pass. */
  method FramePath(p: Point, rsp0: Word, clobbered: Regs, junk: Memory, dispatcher: Point -> Point)
    returns (e: Exit, called: Point, back: Point)
    requires OwnGs(p.k) && Layout(p.k.percpu.scratchTop, rsp0) && ScratchOnly(junk, p.k.percpu.scratchTop)
    requires SysV(dispatcher)
    ensures called.k == p.k.(percpu := p.k.percpu.(userRsp := p.r.rsp, framePtr := rsp0 - 640),
                        cr3 := if p.k.percpu.kernelCr3 == p.k.percpu.userCr3 then p.k.cr3 else p.k.percpu.kernelCr3)
    ensures CalledFor(p.r, called) && Returns(dispatcher, called, back)
    ensures FrameAt(called.mem, rsp0 - 640) == FrameOf(p.r)
    ensures e == if p.r.rcx < TWO_47 && p.r.rsp < TWO_47
                 then Sysret(Point(AfterSysret(p.r.(rax := back.r.rax, r11 := UserFlags(p.r.r11))),
                                   ExitCtl(back.k, p.r.rdx), back.mem))
                 else BadReturn(p.r.rcx, p.r.rsp, RefusedCtl(back.k, back.r.rax))
  {
    called := EntryPath(p, rsp0, clobbered, junk);
    back := CallDispatcher(dispatcher, called);
    e := ExitPath(back, FrameOf(p.r));
    RegsBack(p.r, back.r.rax);
  }

  method CallDispatcher(dispatcher: Point -> Point, p: Point) returns (q: Point)
    requires SysV(dispatcher) && OwnGs(p.k)
    ensures Returns(dispatcher, p, q) && Obeys(p, q)
  {
    q := dispatcher(p);
    assert Returns(dispatcher, p, q);
  }

  lemma {:induction false} RegsBack(user: Regs, ret: Word)
    ensures ReturnRegs(FrameOf(user), ret) == AfterSysret(user.(rax := ret, r11 := UserFlags(user.r11)))
  {
  }

  /**
   * One SYSCALL from ring 3. When the trampoline is free, the frame-restoring path reaches SYSRETQ exactly when the
   * user RIP and RSP are below 2^47, and then every user register except rax, rcx and r11 is what it was, FS and GS
   * are the bases staged on the processor that returns, and the flags are sanitized. When it is taken, the nested exit
   * loses r10 as well, unless r10 already held the flags mask. A SYSCALL issued by kernel code pushes its flags below
   * its own stack pointer and goes back.
   */
  method Syscall(p: Point, rsp0: Word, clobbered: Regs, junk: Memory, dispatcher: Point -> Point)
    returns (e: Exit, called: Point, back: Point)
    requires FromUser(p) && Layout(p.k.percpu.scratchTop, rsp0) && ScratchOnly(junk, p.k.percpu.scratchTop)
    requires p.k.percpu.active <= 1
    requires SysV(dispatcher)
    ensures e.KernelReturn? <==> p.r.rcx / 0x8000_0000_0000 % 2 == 1
    ensures e.Nested? <==> p.r.rcx / 0x8000_0000_0000 % 2 == 0 && p.k.percpu.active == 1
    ensures e.Sysret? <==> p.k.percpu.active == 0 && p.r.rcx < TWO_47 && p.r.rsp < TWO_47
    ensures e.Sysret? || e.BadReturn? ==>
      CalledFor(p.r, called) && called.k == EntryCtl(p.k, p.r.rsp, rsp0 - 640) && Returns(dispatcher, called, back)
    ensures e.Sysret? || e.BadReturn? ==>
      && OwnGs(called.k) && called.k.kernelGs == p.k.gs && called.k.fs == p.k.fs
      && called.k.percpu.active == 1 && called.k.percpu.userRsp == p.r.rsp
      && FrameAt(called.mem, called.k.percpu.framePtr) == FrameOf(p.r)
      && (p.k.cr3 == p.k.percpu.userCr3 ==> called.k.cr3 == p.k.percpu.kernelCr3)
    ensures e.BadReturn? ==>
      && e.rip == p.r.rcx && e.rsp == p.r.rsp && e.k == RefusedCtl(back.k, back.r.rax)
      && OwnGs(e.k) && e.k.percpu.active == 0 && e.k.percpu.framePtr == 0 && e.k.cr3 == back.k.cr3
      && e.k.fs == back.k.percpu.pendingFs && e.k.kernelGs == back.k.percpu.pendingGs
    ensures e.Sysret? ==>
      && e.at.k.fs == back.k.percpu.pendingFs && e.at.k.gs == back.k.percpu.pendingGs && e.at.k.kernelGs == back.k.slot
      && e.at.k.percpu.active == 0 && e.at.k.percpu.framePtr == 0
      && (back.k.cr3 == back.k.percpu.kernelCr3 ==> e.at.k.cr3 == back.k.percpu.userCr3)
    ensures e.Sysret? ==>
      && e.at.r == AfterSysret(p.r.(rax := back.r.rax, r11 := UserFlags(p.r.r11)))
      && e.at.k == ExitCtl(back.k, p.r.rdx) && e.at.mem == back.mem
    ensures e.Nested? ==>
      && e.at.r == AfterSysret(p.r.(rax := EBUSY, r10 := RFLAGS_USER_MASK, r11 := UserFlags(p.r.r11)))
      && e.at.k == p.k && e.at.mem == p.mem
    ensures e.Nested? || e.KernelReturn? ==> e.at.r.rax == TWO_64 - 16
    ensures e.Nested? ==> (e.at.r.r10 == p.r.r10 <==> p.r.r10 == RFLAGS_USER_MASK)
    ensures e.KernelReturn? ==>
      && e.at.r == p.r.(rax := EBUSY, rip := p.r.rcx, rflags := p.r.r11)
      && e.at.k == p.k && e.at.mem == p.mem[Below(p.r.rsp) := p.r.r11]
  {
    if BitTest47(p.r.rcx) {
      var r := p.r.(rax := EBUSY);
      r := r.(rsp := Below(r.rsp));
      var mem := p.mem[r.rsp := r.r11];
      r := r.(rflags := Load(mem, r.rsp), rsp := (r.rsp + 8) % TWO_64);
      r := r.(rip := r.rcx);
      return KernelReturn(Point(r, p.k, mem)), p, p;
    }
    var k := SwapGs(p.k);
    var carry := GsRead(k).active % 2 == 1;
    k := GsWrite(k, GsRead(k).(active := k.percpu.active / 2 * 2 + 1));
    if carry {
      var r := p.r.(rax := EBUSY);
      r := r.(r10 := RFLAGS_USER_MASK);
      r := r.(r11 := UserFlags(r.r11));
      k := SwapGs(k);
      return Nested(Point(AfterSysret(r), k, p.mem)), p, p;
    }
    e, called, back := FramePath(p.(k := k), rsp0, clobbered, junk, dispatcher);
  }
}
