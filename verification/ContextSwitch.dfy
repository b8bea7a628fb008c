/**
 * Context switching (kernel/arch/context_switch.rs). The naked routines are methods that change a machine
 * instruction by instruction; each is proved equal to a closed form, and the closed forms drive a state machine of
 * any number of processors and tasks over which resumption is proved exact.
 */
module ContextSwitch {
  import opened Common
  import opened Bits
  import opened Machine

  // ---------------------------------------------------------------------------------------------
  // Closed forms

  /** What the save half records for a caller whose return address is on top of the stack. */
  function Saved(r: Regs, mem: Memory): Regs
    requires r.rsp + 8 < TWO_64
  {
    r.(rsi := 0, rdi := 0, rsp := r.rsp + 8, rip := Load(mem, r.rsp))
  }

  /** Per-CPU effect of switching out: the syscall reservation is dropped and #NM is armed. */
  function Parked(k: Ctl): Ctl {
    k.(ts := true, percpu := k.percpu.(active := 0, framePtr := 0))
  }

  /** Per-CPU effect of the IRETQ tail: load the user root if it is set and distinct, then SWAPGS. */
  function IretTail(k: Ctl, rdx: Word): Ctl {
    var p := k.percpu.(tmp := rdx);
    var root := if p.userCr3 != 0 && p.userCr3 != p.kernelCr3 then p.userCr3 else k.cr3;
    k.(percpu := p, cr3 := root, gs := k.kernelGs, kernelGs := k.gs)
  }

  function UserRegs(n: Regs): Regs {
    n.(cs := USER_CS, ss := USER_SS, rflags := UserFlags(n.rflags))
  }

  /** The IRETQ frame, built downwards from `top`. */
  function IretFrame(mem: Memory, top: nat, n: Regs): Memory
    requires top >= 40
  {
    mem[top - 8 := USER_SS][top - 16 := n.rsp][top - 24 := UserFlags(n.rflags)][top - 32 := USER_CS][top - 40 := n.rip]
  }

  datatype Outcome = Running(r: Regs, k: Ctl, mem: Memory) | Ud2

  /** The restore half of `switch_context`: two words are pushed just below the saved rsp and popped again. */
  function Resumed(r: Regs, k: Ctl, mem: Memory, n: Regs): Outcome
    requires n.rsp >= 16
  {
    Running(n.(cs := r.cs, ss := r.ss), k, mem[n.rsp - 8 := n.rip][n.rsp - 16 := n.rflags])
  }

  /** The enter half shared by `switch_to_user` and `enter_usermode`. */
  function Entered(top: nat, k: Ctl, mem: Memory, n: Regs): Outcome
    requires top >= 40
  {
    if UserAddress(n.rip) && UserAddress(n.rsp) then
      Running(UserRegs(n), IretTail(k, n.rdx), IretFrame(mem, top, n))
    else Ud2
  }

  // ---------------------------------------------------------------------------------------------
  // Instruction-level routines

  /** A context access through a base register that must hold the context's address. */
  function At(base: Word, p: Word, ctx: Regs): Regs
    requires base == p
  {
    ctx
  }

  function Push(mem: Memory, rsp: Word, v: Word): Memory
    requires rsp >= 8
  {
    mem[rsp - 8 := v]
  }

  function Low16(x: Word, v: Word): Word {
    x / 0x1_0000 * 0x1_0000 + v % 0x1_0000
  }

  lemma {:induction false} Selector(x: Word, v: Word)
    ensures Low16(x, v) % 0x1_0000 == v % 0x1_0000 && Low16(x, v) / 0x1_0000 == x / 0x1_0000
    ensures x < 0x1_0000 && v < 0x1_0000 ==> Low16(x, v) == v
  {
  }

  function Cli(x: Word): Word {
    AndNot(x, RFLAGS_IF)
  }

  lemma {:induction false} CliBits(x: Word, i: nat)
    ensures Bit(Cli(x), i) <==> Bit(x, i) && i != 9
  {
    AndNotBit(x, RFLAGS_IF, i);
    IfBit(i);
  }

  method SaveHalf(r0: Regs, k0: Ctl, mem0: Memory, pOld: Word, pNew: Word, old0: Regs)
    returns (trap: bool, r: Regs, k: Ctl, mem: Memory, saved: Regs)
    requires r0.rdi == pOld && r0.rsi == pNew
    requires 8 <= r0.rsp && r0.rsp + 8 < TWO_64
    requires r0.cs == KERNEL_CS && r0.ss == KERNEL_SS
    requires OwnGs(k0)
    ensures saved == Saved(r0, mem0)
    ensures mem == mem0[r0.rsp - 8 := r0.rflags]
    ensures trap <==> !HighHalf(saved.rip)
    ensures k == if trap then k0 else Parked(k0)
    ensures r.rcx == pNew && r.rsp == r0.rsp && r.cs == r0.cs && r.ss == r0.ss && !Bit(r.rflags, 9)
  {
    hide Cli, Bit;
    CliBits(r0.rflags, 9);
    r, k, mem, saved, trap := r0, k0, mem0, old0, false;
    mem, r := Push(mem, r.rsp, r.rflags), r.(rsp := r.rsp - 8);
    saved, r := At(r.rdi, pOld, saved).(rflags := Load(mem, r.rsp)), r.(rsp := r.rsp + 8);
    r := r.(rflags := Cli(r.rflags));
    saved := At(r.rdi, pOld, saved).(rcx := r.rcx);
    saved := At(r.rdi, pOld, saved).(rdx := r.rdx);
    r := r.(rdx := r.rdi);
    r := r.(rcx := r.rsi);
    saved := At(r.rdx, pOld, saved).(rax := r.rax);
    saved := At(r.rdx, pOld, saved).(rbx := r.rbx);
    r := r.(rax := 0);
    saved := At(r.rdx, pOld, saved).(rsi := r.rax);
    saved := At(r.rdx, pOld, saved).(rdi := r.rax);
    saved := At(r.rdx, pOld, saved).(rbp := r.rbp);
    r := r.(rax := r.rsp + 8);
    saved := At(r.rdx, pOld, saved).(rsp := r.rax);
    saved := At(r.rdx, pOld, saved).(r8 := r.r8);
    saved := At(r.rdx, pOld, saved).(r9 := r.r9);
    saved := At(r.rdx, pOld, saved).(r10 := r.r10);
    saved := At(r.rdx, pOld, saved).(r11 := r.r11);
    saved := At(r.rdx, pOld, saved).(r12 := r.r12);
    saved := At(r.rdx, pOld, saved).(r13 := r.r13);
    saved := At(r.rdx, pOld, saved).(r14 := r.r14);
    saved := At(r.rdx, pOld, saved).(r15 := r.r15);
    r := r.(rax := Load(mem, r.rsp));
    saved := At(r.rdx, pOld, saved).(rip := r.rax);
    trap, r, k, saved := SaveTail(r, k, pOld, saved);
  }

  /** The end of the save half: segment selectors, the return-address guard and the per-CPU clears. */
  method SaveTail(r0: Regs, k0: Ctl, pOld: Word, saved0: Regs) returns (trap: bool, r: Regs, k: Ctl, saved: Regs)
    requires r0.rdx == pOld
    requires r0.cs == KERNEL_CS && r0.ss == KERNEL_SS
    requires OwnGs(k0)
    ensures saved == saved0.(cs := r0.cs, ss := r0.ss)
    ensures trap <==> !HighHalf(saved.rip)
    ensures k == if trap then k0 else Parked(k0)
    ensures r == r0.(rax := r.rax)
  {
    hide Low16;
    Selector(0, KERNEL_CS);
    Selector(KERNEL_CS, KERNEL_SS);
    r, k, saved, trap := r0, k0, saved0, false;
    r := r.(rax := 0);
    r := r.(rax := Low16(r.rax, r.cs));
    saved := At(r.rdx, pOld, saved).(cs := r.rax);
    r := r.(rax := Low16(r.rax, r.ss));
    saved := At(r.rdx, pOld, saved).(ss := r.rax);
    r := r.(rax := At(r.rdx, pOld, saved).rip);
    r := r.(rax := r.rax / TWO_47);
    if r.rax != 0x1FFFF {
      trap := true;
      return;
    }
    k := GsWrite(k, GsRead(k).(active := 0));
    k := GsWrite(k, GsRead(k).(framePtr := 0));
    k := k.(ts := true);
    r := r.(rax := 0);
  }

  /** `switch_context`. */
  method SwitchContext(r0: Regs, k0: Ctl, mem0: Memory, pOld: Word, pNew: Word, old0: Regs, n: Regs)
    returns (out: Outcome, saved: Regs)
    requires r0.rdi == pOld && r0.rsi == pNew
    requires 8 <= r0.rsp && r0.rsp + 8 < TWO_64 && 16 <= n.rsp
    requires r0.cs == KERNEL_CS && r0.ss == KERNEL_SS
    requires OwnGs(k0)
    ensures saved == Saved(r0, mem0)
    ensures out == if HighHalf(saved.rip) then Resumed(r0, Parked(k0), mem0[r0.rsp - 8 := r0.rflags], n) else Ud2
  {
    var trap, r, k, mem;
    trap, r, k, mem, saved := SaveHalf(r0, k0, mem0, pOld, pNew, old0);
    if trap {
      return Ud2, saved;
    }
    r := r.(rax := At(r.rcx, pNew, n).rax);
    r := r.(rbx := At(r.rcx, pNew, n).rbx);
    r := r.(rdx := At(r.rcx, pNew, n).rdx);
    r := r.(rbp := At(r.rcx, pNew, n).rbp);
    r := r.(rsp := At(r.rcx, pNew, n).rsp);
    r := r.(r8 := At(r.rcx, pNew, n).r8);
    r := r.(r9 := At(r.rcx, pNew, n).r9);
    r := r.(r10 := At(r.rcx, pNew, n).r10);
    r := r.(r11 := At(r.rcx, pNew, n).r11);
    r := r.(r12 := At(r.rcx, pNew, n).r12);
    r := r.(r13 := At(r.rcx, pNew, n).r13);
    r := r.(r14 := At(r.rcx, pNew, n).r14);
    r := r.(r15 := At(r.rcx, pNew, n).r15);
    mem, r := Push(mem, r.rsp, At(r.rcx, pNew, n).rip), r.(rsp := r.rsp - 8);
    r := r.(rdi := At(r.rcx, pNew, n).rdi);
    r := r.(rsi := At(r.rcx, pNew, n).rsi);
    mem, r := Push(mem, r.rsp, At(r.rcx, pNew, n).rflags), r.(rsp := r.rsp - 8);
    r := r.(rcx := At(r.rcx, pNew, n).rcx);
    r := r.(rflags := Load(mem, r.rsp), rsp := r.rsp + 8);
    r := r.(rip := Load(mem, r.rsp), rsp := r.rsp + 8);
    out := Running(r, k, mem);
  }

  method CheckUserAddress(x: Word) returns (ok: bool)
    ensures ok <==> x < TWO_47
  {
    UserAddressIsLow(x);
    var y := Shl16(x);
    y := Sar16(y);
    if y != x {
      return false;
    }
    return !BitTest47(x);
  }

  method EnterHalf(r0: Regs, k0: Ctl, mem0: Memory, pNew: Word, n: Regs) returns (out: Outcome)
    requires r0.rdi == pNew && r0.rsp >= 40
    requires OwnGs(k0)
    ensures out == Entered(r0.rsp, k0, mem0, n)
    ensures out.Running? ==>
      && out.r == n.(cs := USER_CS, ss := USER_SS, rflags := out.r.rflags)
      && forall i :: Bit(out.r.rflags, i) <==> i == 9 || (Bit(n.rflags, i) && !Privileged(i))
  {
    hide Bit, UserFlags;
    UserAddressIsLow(n.rip);
    UserAddressIsLow(n.rsp);
    var r, k, mem := r0, k0, mem0;
    r := r.(rax := At(r.rdi, pNew, n).rip);
    var ok := CheckUserAddress(r.rax);
    if !ok {
      return Ud2;
    }
    r := r.(rcx := At(r.rdi, pNew, n).rsp);
    ok := CheckUserAddress(r.rcx);
    if !ok {
      return Ud2;
    }
    r := r.(rax := At(r.rdi, pNew, n).rflags);
    r := r.(rax := UserFlags(r.rax));
    r := r.(r15 := r.rax);
    r, mem := LoadUserRegs(r, mem, pNew, n);
    k := GsWrite(k, GsRead(k).(tmp := r.rdx));
    r := r.(rdx := GsRead(k).userCr3);
    if r.rdx != 0 {
      if r.rdx != GsRead(k).kernelCr3 {
        k := k.(cr3 := r.rdx);
      }
    }
    r := r.(rdx := GsRead(k).tmp);
    k := SwapGs(k);
    r := r.(rip := Load(mem, r.rsp), cs := Load(mem, r.rsp + 8), rflags := Load(mem, r.rsp + 16),
            ss := Load(mem, r.rsp + 32), rsp := Load(mem, r.rsp + 24));
    out := Running(r, k, mem);
    EnteredAs(r0.rsp, k0, mem0, n);
  }

  /** Ring 3 gets each register from its own slot, and safe flags. */
  lemma {:induction false} EnteredAs(top: nat, k: Ctl, mem: Memory, n: Regs)
    requires top >= 40
    ensures var out := Entered(top, k, mem, n);
      out.Running? ==>
        && out.r == n.(cs := USER_CS, ss := USER_SS, rflags := out.r.rflags)
        && forall i :: Bit(out.r.rflags, i) <==> i == 9 || (Bit(n.rflags, i) && !Privileged(i))
  {
    hide Bit, UserAddress, IretTail, IretFrame;
    forall i ensures Bit(UserFlags(n.rflags), i) <==> i == 9 || (Bit(n.rflags, i) && !Privileged(i)) {
      UserFlagsBits(n.rflags, i);
    }
  }

  /** The middle of the enter half: general registers, then the IRETQ frame, then r15 and rdi last. */
  method LoadUserRegs(r0: Regs, mem0: Memory, pNew: Word, n: Regs) returns (r: Regs, mem: Memory)
    requires r0.rdi == pNew && r0.rsp >= 40 && r0.r15 == UserFlags(n.rflags)
    ensures mem == IretFrame(mem0, r0.rsp, n)
    ensures r == n.(rsp := r0.rsp - 40, rip := r0.rip, rflags := Cli(r0.rflags), cs := r0.cs, ss := r0.ss)
  {
    r, mem := r0, mem0;
    r := r.(rflags := Cli(r.rflags));
    r := r.(rax := At(r.rdi, pNew, n).rax);
    r := r.(rbx := At(r.rdi, pNew, n).rbx);
    r := r.(rcx := At(r.rdi, pNew, n).rcx);
    r := r.(rdx := At(r.rdi, pNew, n).rdx);
    r := r.(rsi := At(r.rdi, pNew, n).rsi);
    r := r.(rbp := At(r.rdi, pNew, n).rbp);
    r := r.(r8 := At(r.rdi, pNew, n).r8);
    r := r.(r9 := At(r.rdi, pNew, n).r9);
    r := r.(r10 := At(r.rdi, pNew, n).r10);
    r := r.(r11 := At(r.rdi, pNew, n).r11);
    r := r.(r12 := At(r.rdi, pNew, n).r12);
    r := r.(r13 := At(r.rdi, pNew, n).r13);
    r := r.(r14 := At(r.rdi, pNew, n).r14);
    mem, r := Push(mem, r.rsp, USER_SS), r.(rsp := r.rsp - 8);
    mem, r := Push(mem, r.rsp, At(r.rdi, pNew, n).rsp), r.(rsp := r.rsp - 8);
    mem, r := Push(mem, r.rsp, r.r15), r.(rsp := r.rsp - 8);
    mem, r := Push(mem, r.rsp, USER_CS), r.(rsp := r.rsp - 8);
    mem, r := Push(mem, r.rsp, At(r.rdi, pNew, n).rip), r.(rsp := r.rsp - 8);
    r := r.(r15 := At(r.rdi, pNew, n).r15);
    r := r.(rdi := At(r.rdi, pNew, n).rdi);
  }

  /** `switch_to_user`: the IRETQ frame is built on the outgoing task's stack, below its saved rsp. */
  method SwitchToUser(r0: Regs, k0: Ctl, mem0: Memory, pOld: Word, pNew: Word, old0: Regs, n: Regs)
    returns (out: Outcome, saved: Regs)
    requires r0.rdi == pOld && r0.rsi == pNew
    requires 40 <= r0.rsp && r0.rsp + 8 < TWO_64
    requires r0.cs == KERNEL_CS && r0.ss == KERNEL_SS
    requires OwnGs(k0)
    ensures saved == Saved(r0, mem0)
    ensures out == if HighHalf(saved.rip) then Entered(r0.rsp, Parked(k0), mem0[r0.rsp - 8 := r0.rflags], n) else Ud2
    ensures out.Running? ==>
      && out.r == n.(cs := USER_CS, ss := USER_SS, rflags := out.r.rflags)
      && forall i :: Bit(out.r.rflags, i) <==> i == 9 || (Bit(n.rflags, i) && !Privileged(i))
  {
    var trap, r, k, mem;
    trap, r, k, mem, saved := SaveHalf(r0, k0, mem0, pOld, pNew, old0);
    if trap {
      return Ud2, saved;
    }
    r := r.(rdi := r.rcx);
    out := EnterHalf(r, k, mem, pNew, n);
  }

  /** `enter_usermode`, which has no outgoing context. */
  method EnterUsermode(r0: Regs, k0: Ctl, mem0: Memory, p: Word, n: Regs) returns (out: Outcome)
    requires r0.rdi == p && r0.rsp >= 40
    requires OwnGs(k0)
    ensures out == Entered(r0.rsp, k0.(percpu := k0.percpu.(active := 0, framePtr := 0)), mem0, n)
    ensures out.Running? ==>
      && out.r == n.(cs := USER_CS, ss := USER_SS, rflags := out.r.rflags)
      && forall i :: Bit(out.r.rflags, i) <==> i == 9 || (Bit(n.rflags, i) && !Privileged(i))
  {
    var r, k, mem := r0, k0, mem0;
    k := GsWrite(k, GsRead(k).(active := 0));
    k := GsWrite(k, GsRead(k).(framePtr := 0));
    mem, r := Push(mem, r.rsp, r.rdi), r.(rsp := r.rsp - 8);
    r := r.(rax := 0);
    r := r.(rdi := Load(mem, r.rsp), rsp := r.rsp + 8);
    out := EnterHalf(r, k, mem, p, n);
    FrameOverwrites(mem0, r0.rsp, r0.rdi, n);
  }

  lemma {:induction false} FrameOverwrites(mem: Memory, top: nat, v: Word, n: Regs)
    requires top >= 40
    ensures IretFrame(mem[top - 8 := v], top, n) == IretFrame(mem, top, n)
  {
    assert mem[top - 8 := v][top - 8 := USER_SS] == mem[top - 8 := USER_SS];
  }
}
