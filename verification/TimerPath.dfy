/**
 * The timer interrupt stub (`timer_interrupt_stub` in kernel/arch/interrupts.rs), instruction by instruction: push
 * fifteen registers, swap GS and CR3 when the interrupted code was in ring 3, call the body on an aligned stack, and
 * undo all of it.
 */
module TimerPath {
  import opened Common
  import opened Machine
  import opened SyscallPath

  /** The interrupted general registers; rsp is in the hardware frame. */
  datatype Gprs = Gprs(
    r15: Word, r14: Word, r13: Word, r12: Word, r11: Word, r10: Word, r9: Word, r8: Word,
    rbp: Word, rdi: Word, rsi: Word, rdx: Word, rcx: Word, rbx: Word, rax: Word)

  function GprsAt(m: Memory, p: nat): Gprs {
    Gprs(Load(m, p), Load(m, p + 8), Load(m, p + 16), Load(m, p + 24), Load(m, p + 32), Load(m, p + 40),
         Load(m, p + 48), Load(m, p + 56), Load(m, p + 64), Load(m, p + 72), Load(m, p + 80), Load(m, p + 88),
         Load(m, p + 96), Load(m, p + 104), Load(m, p + 112))
  }

  function GprsOf(r: Regs): Gprs {
    Gprs(r.r15, r.r14, r.r13, r.r12, r.r11, r.r10, r.r9, r.r8, r.rbp, r.rdi, r.rsi, r.rdx, r.rcx, r.rbx, r.rax)
  }

  /** The five words the processor pushes. */
  datatype HwFrame = HwFrame(rip: Word, cs: Word, rflags: Word, rsp: Word, ss: Word)

  function HwAt(m: Memory, p: nat): HwFrame {
    HwFrame(Load(m, p), Load(m, p + 8), Load(m, p + 16), Load(m, p + 24), Load(m, p + 32))
  }

  function HwOf(r: Regs): HwFrame {
    HwFrame(r.rip, r.cs, r.rflags, r.rsp, r.ss)
  }

  function EnterCtl(k: Ctl, ring3: bool): Ctl {
    if !ring3 then k
    else
      var s := SwapGs(k);
      if s.percpu.kernelCr3 == 0 || s.percpu.kernelCr3 == s.percpu.userCr3 then s else s.(cr3 := s.percpu.kernelCr3)
  }

  function LeaveCtl(k: Ctl, ring3: bool): Ctl {
    if !ring3 then k
    else
      SwapGs(if k.percpu.userCr3 == 0 || k.percpu.userCr3 == k.percpu.kernelCr3 then k else k.(cr3 := k.percpu.userCr3))
  }

  /** What the processor does: switch to RSP0 from ring 3, align, push the frame. */
  method Deliver(p: Point, rsp0: Word) returns (r: Regs, mem: Memory)
    requires (if p.r.cs % 4 == 3 then rsp0 else p.r.rsp) >= 512
    ensures r == p.r.(rsp := r.rsp, cs := KERNEL_CS, ss := KERNEL_SS)
    ensures HwAt(mem, r.rsp) == HwOf(p.r)
    ensures 400 <= r.rsp && r.rsp + 40 <= (if p.r.cs % 4 == 3 then rsp0 else p.r.rsp)
    ensures SameOutside(p.mem, mem, r.rsp, r.rsp + 40)
  {
    r, mem := p.r, p.mem;
    var top: Word := if r.cs % 4 == 3 then rsp0 else r.rsp;
    top := top / 16 * 16;
    mem := mem[top - 8 := r.ss];
    mem := mem[top - 16 := r.rsp];
    mem := mem[top - 24 := r.rflags];
    mem := mem[top - 32 := r.cs];
    mem := mem[top - 40 := r.rip];
    r := r.(rsp := top - 40, cs := KERNEL_CS, ss := KERNEL_SS);
  }

  method PushAll(r0: Regs, mem0: Memory) returns (r: Regs, mem: Memory)
    requires r0.rsp >= 120
    ensures GprsAt(mem, r0.rsp - 120) == GprsOf(r0)
    ensures SameOutside(mem0, mem, r0.rsp - 120, r0.rsp)
    ensures r == r0.(rsp := r0.rsp - 120)
  {
    hide Load;
    r, mem := PushHigh(r0, mem0);
    r, mem := PushLow(r, mem);
  }

  method PushHigh(r0: Regs, mem0: Memory) returns (r: Regs, mem: Memory)
    requires r0.rsp >= 56
    ensures Load(mem, r0.rsp - 8) == r0.rax && Load(mem, r0.rsp - 16) == r0.rbx
    ensures Load(mem, r0.rsp - 24) == r0.rcx && Load(mem, r0.rsp - 32) == r0.rdx
    ensures Load(mem, r0.rsp - 40) == r0.rsi && Load(mem, r0.rsp - 48) == r0.rdi
    ensures Load(mem, r0.rsp - 56) == r0.rbp
    ensures SameOutside(mem0, mem, r0.rsp - 56, r0.rsp)
    ensures r == r0.(rsp := r0.rsp - 56)
  {
    r, mem := r0, mem0;
    mem, r := mem[r.rsp - 8 := r.rax], r.(rsp := r.rsp - 8);
    mem, r := mem[r.rsp - 8 := r.rbx], r.(rsp := r.rsp - 8);
    mem, r := mem[r.rsp - 8 := r.rcx], r.(rsp := r.rsp - 8);
    mem, r := mem[r.rsp - 8 := r.rdx], r.(rsp := r.rsp - 8);
    mem, r := mem[r.rsp - 8 := r.rsi], r.(rsp := r.rsp - 8);
    mem, r := mem[r.rsp - 8 := r.rdi], r.(rsp := r.rsp - 8);
    mem, r := mem[r.rsp - 8 := r.rbp], r.(rsp := r.rsp - 8);
  }

  method PushLow(r0: Regs, mem0: Memory) returns (r: Regs, mem: Memory)
    requires r0.rsp >= 64
    ensures Load(mem, r0.rsp - 8) == r0.r8 && Load(mem, r0.rsp - 16) == r0.r9
    ensures Load(mem, r0.rsp - 24) == r0.r10 && Load(mem, r0.rsp - 32) == r0.r11
    ensures Load(mem, r0.rsp - 40) == r0.r12 && Load(mem, r0.rsp - 48) == r0.r13
    ensures Load(mem, r0.rsp - 56) == r0.r14 && Load(mem, r0.rsp - 64) == r0.r15
    ensures SameOutside(mem0, mem, r0.rsp - 64, r0.rsp)
    ensures r == r0.(rsp := r0.rsp - 64)
  {
    r, mem := r0, mem0;
    mem, r := mem[r.rsp - 8 := r.r8], r.(rsp := r.rsp - 8);
    mem, r := mem[r.rsp - 8 := r.r9], r.(rsp := r.rsp - 8);
    mem, r := mem[r.rsp - 8 := r.r10], r.(rsp := r.rsp - 8);
    mem, r := mem[r.rsp - 8 := r.r11], r.(rsp := r.rsp - 8);
    mem, r := mem[r.rsp - 8 := r.r12], r.(rsp := r.rsp - 8);
    mem, r := mem[r.rsp - 8 := r.r13], r.(rsp := r.rsp - 8);
    mem, r := mem[r.rsp - 8 := r.r14], r.(rsp := r.rsp - 8);
    mem, r := mem[r.rsp - 8 := r.r15], r.(rsp := r.rsp - 8);
  }

  method PopAll(r0: Regs, mem: Memory, g: Gprs) returns (r: Regs)
    requires r0.rsp + 120 < TWO_64 && g == GprsAt(mem, r0.rsp)
    ensures GprsOf(r) == g
    ensures r.rsp == r0.rsp + 120 && r.rip == r0.rip && r.rflags == r0.rflags && r.cs == r0.cs && r.ss == r0.ss
  {
    hide Load;
    r := r0;
    r := r.(r15 := Load(mem, r.rsp), rsp := r.rsp + 8);
    r := r.(r14 := Load(mem, r.rsp), rsp := r.rsp + 8);
    r := r.(r13 := Load(mem, r.rsp), rsp := r.rsp + 8);
    r := r.(r12 := Load(mem, r.rsp), rsp := r.rsp + 8);
    r := r.(r11 := Load(mem, r.rsp), rsp := r.rsp + 8);
    r := r.(r10 := Load(mem, r.rsp), rsp := r.rsp + 8);
    r := r.(r9 := Load(mem, r.rsp), rsp := r.rsp + 8);
    r := r.(r8 := Load(mem, r.rsp), rsp := r.rsp + 8);
    r := r.(rbp := Load(mem, r.rsp), rsp := r.rsp + 8);
    r := r.(rdi := Load(mem, r.rsp), rsp := r.rsp + 8);
    r := r.(rsi := Load(mem, r.rsp), rsp := r.rsp + 8);
    r := r.(rdx := Load(mem, r.rsp), rsp := r.rsp + 8);
    r := r.(rcx := Load(mem, r.rsp), rsp := r.rsp + 8);
    r := r.(rbx := Load(mem, r.rsp), rsp := r.rsp + 8);
    r := r.(rax := Load(mem, r.rsp), rsp := r.rsp + 8);
  }

  /** The stub up to the call of the body. */
  method EnterStub(r0: Regs, k0: Ctl, mem0: Memory) returns (p: Point)
    requires r0.rsp >= 256 && r0.rsp + 16 < TWO_64
    requires Load(mem0, r0.rsp + 8) % 4 != 0 ==> k0.kernelGs == k0.slot
    ensures p.k == EnterCtl(k0, Load(mem0, r0.rsp + 8) % 4 != 0)
    ensures GprsAt(p.mem, r0.rsp - 120) == GprsOf(r0) && SameOutside(mem0, p.mem, r0.rsp - 120, r0.rsp)
    ensures p.r.rbp == r0.rsp - 120 && p.r.rdi == r0.rsp - 120 && p.r.rsi == r0.rsp
    ensures p.r.rsp <= r0.rsp - 120 && p.r.rsp % 16 == 0 && p.r.cs == r0.cs && p.r.ss == r0.ss
  {
    var r, k, mem := r0, k0, mem0;
    r, mem := PushAll(r, mem);
    r := r.(rax := Load(mem, r.rsp + 120 + 8));
    if r.rax % 4 != 0 {
      k := SwapGs(k);
      r := r.(rax := GsRead(k).kernelCr3);
      if r.rax != 0 {
        if r.rax != GsRead(k).userCr3 {
          k := k.(cr3 := r.rax);
        }
      }
    }
    r := r.(rdi := r.rsp);
    r := r.(rsi := r.rsp + 120);
    r := r.(rbp := r.rsp);
    r := r.(rsp := r.rsp / 16 * 16);
    p := Point(r, k, mem);
  }

  /** The stub from the body's return to IRETQ. */
  method LeaveStub(p: Point) returns (q: Point)
    requires p.r.rbp + 160 < TWO_64
    requires Load(p.mem, p.r.rbp + 128) % 4 != 0 ==> OwnGs(p.k)
    ensures q.k == LeaveCtl(p.k, Load(p.mem, p.r.rbp + 128) % 4 != 0) && q.mem == p.mem
    ensures HwOf(q.r) == HwAt(p.mem, p.r.rbp + 120)
    ensures GprsOf(q.r) == GprsAt(p.mem, p.r.rbp)
  {
    var r, k := p.r, p.k;
    r := r.(rsp := r.rbp);
    r := r.(rax := Load(p.mem, r.rsp + 120 + 8));
    if r.rax % 4 != 0 {
      r := r.(rax := GsRead(k).userCr3);
      if r.rax != 0 {
        if r.rax != GsRead(k).kernelCr3 {
          k := k.(cr3 := r.rax);
        }
      }
      k := SwapGs(k);
    }
    r := PopAll(r, p.mem, GprsAt(p.mem, p.r.rbp));
    r := r.(rip := Load(p.mem, r.rsp), cs := Load(p.mem, r.rsp + 8), rflags := Load(p.mem, r.rsp + 16),
            rsp := Load(p.mem, r.rsp + 24), ss := Load(p.mem, r.rsp + 32));
    q := Point(r, k, p.mem);
  }

  /** A body that keeps the callee-saved registers and the interrupted state, possibly after a migration. */
  predicate BodyObeys(p: Point, q: Point) {
    && OwnGs(q.k) && q.r.rbp == p.r.rbp
    && GprsAt(q.mem, p.r.rbp) == GprsAt(p.mem, p.r.rbp)
    && HwAt(q.mem, p.r.rbp + 120) == HwAt(p.mem, p.r.rbp + 120)
  }

  ghost predicate BodySysV(body: Point -> Point) {
    forall p: Point, q: Point :: Returns(body, p, q) && OwnGs(p.k) ==> BodyObeys(p, q)
  }

  method CallBody(body: Point -> Point, p: Point) returns (q: Point)
    requires BodySysV(body) && OwnGs(p.k)
    ensures Returns(body, p, q) && BodyObeys(p, q)
  {
    q := body(p);
    assert Returns(body, p, q);
  }

  lemma {:induction false} HwKept(m: Memory, m': Memory, p: nat)
    requires forall a: nat :: p <= a < p + 40 ==> Load(m', a) == Load(m, a)
    ensures HwAt(m', p) == HwAt(m, p)
  {
  }

  /** One timer interrupt, from ring 3 or ring 0: every register comes back, rsp and flags included. */
  method Interrupt(p: Point, rsp0: Word, body: Point -> Point) returns (q: Point, called: Point, back: Point)
    requires p.r.cs == KERNEL_CS || p.r.cs == USER_CS
    requires (if p.r.cs == USER_CS then rsp0 else p.r.rsp) >= 512
    requires if p.r.cs == USER_CS then p.k.kernelGs == p.k.slot else OwnGs(p.k)
    requires BodySysV(body)
    ensures called.k == EnterCtl(p.k, p.r.cs == USER_CS) && OwnGs(called.k)
    ensures Returns(body, called, back)
    ensures q.r == p.r
    ensures q.k == LeaveCtl(back.k, p.r.cs == USER_CS)
  {
    var r, mem := Deliver(p, rsp0);
    called := EnterStub(r, p.k, mem);
    HwKept(mem, called.mem, r.rsp);
    back := CallBody(body, called);
    q := LeaveStub(back);
  }
}
