/**
 * The x86-64 state that the kernel's naked entry, exit and switch routines work on: general registers, stack
 * memory, the GS and FS bases, CR3, CR0.TS and the per-CPU record that GS-relative accesses reach.
 */
module Machine {
  import opened Common
  import opened Bits

  const TWO_47: nat := 0x8000_0000_0000

  type Word = x: nat | x < TWO_64

  const KERNEL_CS: Word := 0x08
  const KERNEL_SS: Word := 0x10
  const USER_CS: Word := 0x23
  const USER_SS: Word := 0x1B

  /** The registers of a processor, and equally the `Context` record they are saved to. */
  datatype Regs = Regs(
    rax: Word, rbx: Word, rcx: Word, rdx: Word, rsi: Word, rdi: Word, rbp: Word, rsp: Word,
    r8: Word, r9: Word, r10: Word, r11: Word, r12: Word, r13: Word, r14: Word, r15: Word,
    rip: Word, rflags: Word, cs: Word, ss: Word)

  /** Eight-byte words at eight-byte aligned addresses; an address never written reads as zero. */
  type Memory = map<nat, Word>

  function Load(m: Memory, a: nat): Word {
    if a in m then m[a] else 0
  }

  /** The fields of `SyscallPerCpu` that the assembly reaches. */
  datatype PerCpu = PerCpu(
    scratchTop: Word, userRsp: Word, framePtr: Word, active: Word,
    kernelCr3: Word, userCr3: Word, tmp: Word, pendingFs: Word, pendingGs: Word)

  /** Control state of one processor; `slot` is the address of its own per-CPU record `percpu`. */
  datatype Ctl = Ctl(slot: Word, gs: Word, kernelGs: Word, fs: Word, cr3: Word, ts: bool, percpu: PerCpu)

  predicate OwnGs(k: Ctl) {
    k.gs == k.slot
  }

  /** A GS-relative read or write reaches this processor's record only while GS_BASE is its slot. */
  function GsRead(k: Ctl): PerCpu
    requires OwnGs(k)
  {
    k.percpu
  }

  function GsWrite(k: Ctl, p: PerCpu): Ctl
    requires OwnGs(k)
  {
    k.(percpu := p)
  }

  function SwapGs(k: Ctl): Ctl {
    k.(gs := k.kernelGs, kernelGs := k.gs)
  }

  // ---------------------------------------------------------------------------------------------
  // Canonical addresses

  function Shl16(x: Word): Word {
    x * 0x1_0000 % TWO_64
  }

  function Sar16(x: Word): Word {
    if x < 0x8000_0000_0000_0000 then x / 0x1_0000 else x / 0x1_0000 + 0xFFFF_0000_0000_0000
  }

  predicate BitTest47(x: Word) {
    x / TWO_47 % 2 == 1
  }

  /** The word as a two's-complement number. */
  function Signed(x: Word): int {
    if x < 0x8000_0000_0000_0000 then x else x - TWO_64
  }

  /** The arithmetic shift divides the signed value, rounding down; the bit test reads the top bit of the low 48. */
  lemma {:induction false} ShiftAndTest(x: Word)
    ensures Signed(Sar16(x)) == Signed(x) / 0x1_0000
    ensures BitTest47(x) <==> x % 0x1_0000_0000_0000 >= 0x8000_0000_0000
  {
  }

  /** The shift, compare and bit-test sequence that guards every return to ring 3. */
  predicate UserAddress(x: Word) {
    Sar16(Shl16(x)) == x && !BitTest47(x)
  }

  /** The guard of the save half: the top seventeen bits are all ones. */
  predicate HighHalf(x: Word) {
    x / TWO_47 == 0x1FFFF
  }

  lemma {:induction false} UserAddressIsLow(x: Word)
    ensures UserAddress(x) <==> x < TWO_47
  {
    assert x * 0x1_0000 % TWO_64 == x % 0x1_0000_0000_0000 * 0x1_0000;
  }

  // ---------------------------------------------------------------------------------------------
  // RFLAGS

  lemma {:induction false} WordBound() returns (n: nat)
    ensures Pow2(n) == TWO_64
  {
    n := 4;
    assert Pow2(n) == 16;
    n := Doubled(n, 16);
    n := Doubled(n, 0x100);
    n := Doubled(n, 0x1_0000);
    n := Doubled(n, 0x1_0000_0000);
  }

  // IOPL (two bits), NT, RF, VM, AC, VIF and VIP.
  const RFLAGS_USER_CLEAR: nat := 0x1F_7000
  const RFLAGS_USER_MASK: Word := TWO_64 - 1 - RFLAGS_USER_CLEAR
  const RFLAGS_IF: nat := 0x200

  function UserFlags(x: Word): Word {
    var masked := AndNot(x, RFLAGS_USER_CLEAR);
    WordOr(masked, RFLAGS_IF)
  }

  function WordOr(a: nat, b: nat): Word
    requires a < TWO_64 && b < TWO_64
  {
    assert Or(a, b) < TWO_64 by {
      var n := WordBound();
      OrBelow(a, b, n);
    }
    Or(a, b)
  }

  predicate Privileged(i: nat) {
    i == 12 || i == 13 || i == 14 || 16 <= i <= 20
  }

  lemma {:induction false} ClearMaskBit(i: nat)
    ensures Bit(RFLAGS_USER_CLEAR, i) <==> Privileged(i)
  {
    assert Pow2(12) == 0x1000;
    MultipleBit(0x1F7, 12, i);
    if i >= 12 { LowMaskBit(i - 12); }
  }

  lemma {:induction false} LowMaskBit(i: nat)
    ensures Bit(0x1F7, i) <==> i <= 2 || 4 <= i <= 8
  {
    assert Bit(0x1F7, 0) && Bit(0x1F7, 1) && Bit(0x1F7, 2) && !Bit(0x1F7, 3) && Bit(0x1F7, 4);
    assert Bit(0x1F7, 5) && Bit(0x1F7, 6) && Bit(0x1F7, 7) && Bit(0x1F7, 8);
    if i >= 9 {
      HighBit(0x1F7, 9, i);
      ZeroBit(i - 9);
    }
  }

  lemma {:induction false} IfBit(i: nat)
    ensures Bit(RFLAGS_IF, i) <==> i == 9
  {
    assert Pow2(9) == 0x200;
    MultipleBit(1, 9, i);
    if i >= 9 {
      if i > 9 { ZeroBit(i - 10); }
    }
  }

  /** Every return to ring 3 forces IF, clears the privileged bits and keeps every other flag. */
  lemma {:induction false} UserFlagsBits(x: Word, i: nat)
    ensures Bit(UserFlags(x), i) <==> i == 9 || (Bit(x, i) && !Privileged(i))
  {
    OrBit(AndNot(x, RFLAGS_USER_CLEAR), RFLAGS_IF, i);
    AndNotBit(x, RFLAGS_USER_CLEAR, i);
    ClearMaskBit(i);
    IfBit(i);
  }
}
